/**
 * strconv.ParseInt(s, 10, 64), the integer parser every decoder variant
 * calls: an optional sign, then decimal digits, within the signed 64-bit range.
 * It is written the way the library scans (digit by digit, reporting overflow
 * as soon as the unsigned accumulator passes 2^64 - 1) and is proved equal to
 * a positional reference definition.
 */
module Strconv {
  import opened Wrappers

  /** The two causes a strconv.NumError can carry. */
  datatype NumErr = ErrSyntax | ErrRange

  const MaxUint64: nat := 0xFFFF_FFFF_FFFF_FFFF
  const MinInt64: int := -0x8000_0000_0000_0000
  const MaxInt64: int := 0x7FFF_FFFF_FFFF_FFFF

  predicate IsDigit(c: char)
  {
    '0' <= c <= '9'
  }

  function DigitValue(c: char): (d: nat)
    requires IsDigit(c)
    ensures d < 10
  {
    c as int - '0' as int
  }

  /** The accumulation loop of strconv.ParseUint for base 10 and bit size 64. */
  function ScanUint(s: string, acc: nat): Result<nat, NumErr>
    requires acc <= MaxUint64
    decreases |s|
  {
    if s == [] then Success(acc)
    else if !IsDigit(s[0]) then Failure(ErrSyntax)
    else
      var n := acc * 10 + DigitValue(s[0]);
      if n > MaxUint64 then Failure(ErrRange) else ScanUint(s[1..], n)
  }

  /** strconv.ParseUint(s, 10, 64). */
  function ParseUint(s: string): Result<nat, NumErr>
  {
    if s == [] then Failure(ErrSyntax) else ScanUint(s, 0)
  }

  /**
   * strconv.ParseInt(s, 10, 64): strip one leading sign, parse the rest as an
   * unsigned number, then check the signed range. A range failure of the
   * unsigned parse stays a range failure.
   */
  function ParseInt(s: string): (r: Result<int, NumErr>)
    ensures r.Success? ==> MinInt64 <= r.value <= MaxInt64
  {
    if s == [] then Failure(ErrSyntax)
    else
      var neg := s[0] == '-';
      var body := if s[0] == '+' || s[0] == '-' then s[1..] else s;
      match ParseUint(body)
      case Failure(e) => Failure(e)
      case Success(u) =>
        if !neg && u > MaxInt64 then Failure(ErrRange)
        else if neg && u > -MinInt64 then Failure(ErrRange)
        else Success(if neg then -(u as int) else u as int)
  }

  // Reference definition: decimal numerals and their positional value.

  predicate AllDigits(s: string)
  {
    forall i :: 0 <= i < |s| ==> IsDigit(s[i])
  }

  function Pow10(n: nat): (p: nat)
    ensures p >= 1
  {
    if n == 0 then 1 else 10 * Pow10(n - 1)
  }

  /** The value of a string of decimal digits, read from its last digit. */
  function DecimalValue(s: string): nat
    requires AllDigits(s)
  {
    if s == [] then 0 else DecimalValue(s[..|s| - 1]) * 10 + DigitValue(s[|s| - 1])
  }

  /** An optional `+` or `-` followed by at least one decimal digit. */
  predicate IsDecimalInt(s: string)
  {
    |s| > 0 &&
    if s[0] == '+' || s[0] == '-' then |s| > 1 && AllDigits(s[1..]) else AllDigits(s)
  }

  function IntValue(s: string): int
    requires IsDecimalInt(s)
  {
    if s[0] == '-' then -(DecimalValue(s[1..]) as int)
    else if s[0] == '+' then DecimalValue(s[1..])
    else DecimalValue(s)
  }

  /** The leading digit weighs 10^(n-1). */
  lemma {:induction false} DecimalValueFront(s: string)
    requires |s| > 0 && AllDigits(s)
    ensures DecimalValue(s) == DigitValue(s[0]) * Pow10(|s| - 1) + DecimalValue(s[1..])
    decreases |s|
  {
    if |s| > 1 {
      var init, tail := s[..|s| - 1], s[1..];
      DecimalValueFront(init);
      assert init[1..] == tail[..|tail| - 1];
      assert init[0] == s[0] && tail[|tail| - 1] == s[|s| - 1];
      var d0, dl, p, p1 := DigitValue(s[0]), DigitValue(s[|s| - 1]), Pow10(|s| - 2), Pow10(|s| - 1);
      var x, v, vt := DecimalValue(init[1..]), DecimalValue(s), DecimalValue(tail);
      assert v == DecimalValue(init) * 10 + dl;
      assert DecimalValue(init) == d0 * p + x;
      assert vt == x * 10 + dl;
      assert p1 == 10 * p;
      Regroup(d0, p, x, dl, v, vt, p1);
    }
  }

  lemma Regroup(d0: int, p: int, x: int, dl: int, v: int, vt: int, p1: int)
    requires v == (d0 * p + x) * 10 + dl && vt == x * 10 + dl && p1 == 10 * p
    ensures v == d0 * p1 + vt
  {
    calc {
      (d0 * p + x) * 10 + dl;
      (d0 * p) * 10 + (x * 10 + dl);
      { assert (d0 * p) * 10 == d0 * (10 * p); }
      d0 * p1 + vt;
    }
  }

  lemma AllDigitsTail(s: string)
    requires s != [] && IsDigit(s[0])
    ensures AllDigits(s) <==> AllDigits(s[1..])
  {
    if AllDigits(s[1..]) {
      forall i | 0 < i < |s| ensures IsDigit(s[i]) {
        assert s[i] == s[1..][i - 1];
      }
    }
  }

  /** `acc` followed by the digits of `s`, as one number. */
  function Shift(acc: nat, s: string): nat
    requires AllDigits(s)
  {
    acc * Pow10(|s|) + DecimalValue(s)
  }

  /** Consuming one digit moves its weight into the accumulator. */
  lemma ScanStepValue(s: string, acc: nat)
    requires s != [] && AllDigits(s)
    ensures AllDigits(s[1..]) && Shift(acc, s) == Shift(acc * 10 + DigitValue(s[0]), s[1..])
  {
    AllDigitsTail(s);
    var v0, v1, d, p, p1 := DecimalValue(s), DecimalValue(s[1..]), DigitValue(s[0]), Pow10(|s| - 1), Pow10(|s|);
    DecimalValueFront(s);
    Pow10Step(|s|);
    Combine(acc, v0, v1, d, p, p1);
    assert Shift(acc, s) == acc * p1 + v0;
    assert Shift(acc * 10 + d, s[1..]) == (acc * 10 + d) * p + v1;
  }

  lemma ShiftAtLeast(acc: nat, s: string)
    requires AllDigits(s)
    ensures Shift(acc, s) >= acc
  {
    MulMono(acc, Pow10(|s|));
  }

  lemma Pow10Step(n: nat)
    requires n > 0
    ensures Pow10(n) == 10 * Pow10(n - 1)
  {
  }

  lemma Combine(acc: int, v0: int, v1: int, d: int, p: int, p1: int)
    requires v0 == d * p + v1 && p1 == 10 * p
    ensures acc * p1 + v0 == (acc * 10 + d) * p + v1
  {
    Distribute(acc, d, p, v1);
  }

  lemma Distribute(acc: int, d: int, p: int, v: int)
    ensures acc * (10 * p) + (d * p + v) == (acc * 10 + d) * p + v
  {
    calc {
      (acc * 10 + d) * p;
      (acc * 10) * p + d * p;
      acc * (10 * p) + d * p;
    }
  }

  lemma MulMono(a: nat, b: nat)
    requires b >= 1
    ensures a * b >= a
  {
  }

  /**
   * The scan from accumulator `acc` succeeds exactly when the rest is all
   * digits and `acc` followed by those digits fits in 64 unsigned bits, and
   * then yields that number.
   */
  lemma {:induction false} ScanUintMeaning(s: string, acc: nat)
    requires acc <= MaxUint64
    ensures ScanUint(s, acc).Success? <==> AllDigits(s) && Shift(acc, s) <= MaxUint64
    ensures ScanUint(s, acc).Success? ==> ScanUint(s, acc).value == Shift(acc, s)
    ensures ScanUint(s, acc).Failure? && AllDigits(s) ==> ScanUint(s, acc).error == ErrRange
    decreases |s|
  {
    if s != [] && IsDigit(s[0]) {
      var n := acc * 10 + DigitValue(s[0]);
      AllDigitsTail(s);
      if AllDigits(s) {
        ScanStepValue(s, acc);
        ShiftAtLeast(n, s[1..]);
      }
      if n <= MaxUint64 {
        ScanUintMeaning(s[1..], n);
      }
    }
  }

  /**
   * ParseInt accepts exactly the decimal numerals whose value lies in the
   * signed 64-bit range, and returns that value; a well-formed numeral out of
   * range fails with ErrRange.
   */
  lemma ParseIntMeaning(s: string)
    ensures ParseInt(s).Success? <==> IsDecimalInt(s) && MinInt64 <= IntValue(s) <= MaxInt64
    ensures ParseInt(s).Success? ==> ParseInt(s).value == IntValue(s)
    ensures ParseInt(s).Failure? && IsDecimalInt(s) ==> ParseInt(s).error == ErrRange
  {
    if s != [] {
      var body := if s[0] == '+' || s[0] == '-' then s[1..] else s;
      ScanUintMeaning(body, 0);
    }
  }

  // FormatInt, the inverse the round trip is stated against.

  function DigitChar(d: nat): (c: char)
    requires d < 10
    ensures IsDigit(c) && DigitValue(c) == d
  {
    ('0' as int + d) as char
  }

  /** The shortest decimal digits of `n`. */
  function Digits(n: nat): (s: string)
    ensures |s| > 0 && AllDigits(s)
  {
    if n < 10 then [DigitChar(n)] else Digits(n / 10) + [DigitChar(n % 10)]
  }

  /** strconv.FormatInt(v, 10). */
  function FormatInt(v: int): string
  {
    if v < 0 then "-" + Digits(-v) else Digits(v)
  }

  lemma {:induction false} DigitsValue(n: nat)
    ensures DecimalValue(Digits(n)) == n
  {
    if n >= 10 {
      DigitsValue(n / 10);
      var s := Digits(n);
      assert s[..|s| - 1] == Digits(n / 10);
    }
  }

  /** Every 64-bit integer survives formatting and parsing unchanged. */
  lemma ParseFormatRoundTrip(v: int)
    requires MinInt64 <= v <= MaxInt64
    ensures ParseInt(FormatInt(v)) == Success(v)
  {
    var s := FormatInt(v);
    DigitsValue(if v < 0 then -v else v);
    if v < 0 {
      assert s[1..] == Digits(-v);
    }
    assert IsDecimalInt(s);
    ParseIntMeaning(s);
  }
}
