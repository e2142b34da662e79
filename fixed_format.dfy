/**
 * The text that C's printf family produces for the two conversions the probe
 * uses: "%f" (fixed notation, six decimals, correctly rounded: to nearest
 * with ties to even on the exact value, as glibc prints) and "%d" (a signed
 * decimal integer).
 *
 * Values are `real`: every double is one, so the model covers every double
 * except negative zero, infinities and NaN.
 */
module FixedFormat {

  predicate IsDigit(c: char) { '0' <= c <= '9' }

  predicate AllDigits(s: string) { forall i :: 0 <= i < |s| ==> IsDigit(s[i]) }

  function DigitChar(d: nat): (c: char)
    requires d < 10
    ensures IsDigit(c) && c as int - '0' as int == d
  {
    ('0' as int + d) as char
  }

  function DigitValue(c: char): (d: nat)
    requires IsDigit(c)
    ensures d < 10 && DigitChar(d) == c
  {
    c as int - '0' as int
  }

  function Pow10(k: nat): (p: nat)
    ensures p >= 1
  {
    if k == 0 then 1 else 10 * Pow10(k - 1)
  }

  /** The shortest decimal numeral of `n` ("0" for zero, no leading zeros). */
  function Decimal(n: nat): (s: string)
    ensures |s| >= 1 && AllDigits(s)
    ensures |s| > 1 ==> s[0] != '0'
  {
    if n < 10 then [DigitChar(n)] else Decimal(n / 10) + [DigitChar(n % 10)]
  }

  /** The number a digit string denotes, read most significant digit first. */
  function DigitsValue(s: string): nat
    requires AllDigits(s)
  {
    if s == [] then 0 else DigitsValue(s[..|s| - 1]) * 10 + DigitValue(s[|s| - 1])
  }

  function Zeros(k: nat): (s: string)
    ensures |s| == k && AllDigits(s)
  {
    if k == 0 then [] else Zeros(k - 1) + ['0']
  }

  /** Reading a numeral back gives the number it was written from. */
  lemma {:induction false} DecimalRoundTrip(n: nat)
    ensures DigitsValue(Decimal(n)) == n
  {
    if n >= 10 {
      DecimalRoundTrip(n / 10);
      var s := Decimal(n);
      assert s[..|s| - 1] == Decimal(n / 10);
    }
  }

  /** A numeral has at most `k` digits exactly when the number is below 10^k. */
  lemma {:induction false} DecimalLength(n: nat, k: nat)
    requires k >= 1
    ensures |Decimal(n)| <= k <==> n < Pow10(k)
  {
    if k == 1 {
      if n >= 10 {
        assert |Decimal(n)| == |Decimal(n / 10)| + 1;
      }
    } else if n < 10 {
      Pow10Grows(k);
    } else {
      DecimalLength(n / 10, k - 1);
    }
  }

  lemma {:induction false} Pow10Grows(k: nat)
    requires k >= 1
    ensures Pow10(k) >= 10
  {
    if k > 1 {
      Pow10Grows(k - 1);
    }
  }

  /** Leading zeros do not change the number a digit string denotes. */
  lemma {:induction false} LeadingZeros(k: nat, s: string)
    requires AllDigits(s)
    ensures AllDigits(Zeros(k) + s) && DigitsValue(Zeros(k) + s) == DigitsValue(s)
  {
    var t := Zeros(k) + s;
    if s == [] {
      assert t == Zeros(k);
      ZerosValue(k);
    } else {
      LeadingZeros(k, s[..|s| - 1]);
      assert t[..|t| - 1] == Zeros(k) + s[..|s| - 1];
    }
  }

  lemma {:induction false} ZerosValue(k: nat)
    ensures DigitsValue(Zeros(k)) == 0
  {
    if k > 0 {
      ZerosValue(k - 1);
      assert Zeros(k)[..k - 1] == Zeros(k - 1);
    }
  }

  /** The six fraction digits "%f" prints for `r` millionths, leading zeros kept. */
  function FractionDigits(r: nat): (s: string)
    requires r < 1000000
    ensures |s| == 6 && AllDigits(s) && DigitsValue(s) == r
  {
    DecimalLength(r, 6);
    DecimalRoundTrip(r);
    LeadingZeros(6 - |Decimal(r)|, Decimal(r));
    Zeros(6 - |Decimal(r)|) + Decimal(r)
  }

  function Abs(x: real): real { if x < 0.0 then -x else x }

  /** Rounding to the nearest integer, ties to the even neighbour. */
  function RoundHalfEven(m: real): (r: int)
    ensures -0.5 <= m - r as real <= 0.5
    ensures (m - r as real == 0.5 || r as real - m == 0.5) ==> r % 2 == 0
  {
    var f := m.Floor;
    var frac := m - f as real;
    if frac < 0.5 then f
    else if frac > 0.5 then f + 1
    else if f % 2 == 0 then f
    else f + 1
  }

  /** |x| in millionths, as "%f" rounds it. */
  function RoundedMicros(x: real): nat
  {
    var r := RoundHalfEven(Abs(x) * 1000000.0);
    if r < 0 then 0 else r
  }

  /** The "%f" text of a sign and a magnitude of `n` millionths. */
  function FixedText(negative: bool, n: nat): string
  {
    (if negative then "-" else "") + Decimal(n / 1000000) + "." + FractionDigits(n % 1000000)
  }

  /** printf("%f", x). A negative value that rounds to zero keeps its sign ("-0.000000"). */
  function FormatF6(x: real): (s: string)
    ensures |s| >= 8 && s[|s| - 7] == '.'
    ensures s[0] == '-' <==> x < 0.0
    ensures var integer := s[(if x < 0.0 then 1 else 0)..|s| - 7];
      && |integer| >= 1 && (|integer| > 1 ==> integer[0] != '0')
      && AllDigits(integer) && DigitsValue(integer) == RoundedMicros(x) / 1000000
    ensures AllDigits(s[|s| - 6..]) && DigitsValue(s[|s| - 6..]) == RoundedMicros(x) % 1000000
  {
    var n := RoundedMicros(x);
    var sign, integer, fraction := (if x < 0.0 then "-" else ""), Decimal(n / 1000000), FractionDigits(n % 1000000);
    DecimalRoundTrip(n / 1000000);
    var t := sign + integer + "." + fraction;
    assert t == FixedText(x < 0.0, n);
    assert t[|sign|..|t| - 7] == integer;
    assert t[|t| - 6..] == fraction;
    t
  }

  /** printf("%d", d). */
  function FormatInt(d: int): (s: string)
    ensures |s| >= 1 && (s[0] == '-' <==> d < 0)
    ensures d < 0 ==> AllDigits(s[1..]) && DigitsValue(s[1..]) == -d
    ensures d >= 0 ==> AllDigits(s) && DigitsValue(s) == d
  {
    DecimalRoundTrip(if d < 0 then -d else d);
    if d < 0 then
      var t := "-" + Decimal(-d);
      assert t[1..] == Decimal(-d);
      t
    else Decimal(d)
  }

  /** Distinct integers print differently under "%d". */
  lemma FormatIntInjective(d: int, e: int)
    ensures FormatInt(d) == FormatInt(e) <==> d == e
  {
  }

  /** "%f" keeps the value to within half a millionth. */
  lemma RoundedMicrosClose(x: real)
    ensures -0.5 <= Abs(x) * 1000000.0 - RoundedMicros(x) as real <= 0.5
  {
  }

  lemma FixedTextLength(negative: bool, n: nat)
    ensures |FixedText(negative, n)| == (if negative then 1 else 0) + |Decimal(n / 1000000)| + 7
  {
  }

  /**
   * The "%f" text determines the sign and the rounded magnitude: two values
   * print alike exactly when they agree on both.
   */
  lemma {:induction false} FixedTextInjective(a: bool, m: nat, b: bool, n: nat)
    ensures FixedText(a, m) == FixedText(b, n) <==> a == b && m == n
  {
    if FixedText(a, m) == FixedText(b, n) {
      var t := FixedText(a, m);
      var sa, da, fa := (if a then "-" else ""), Decimal(m / 1000000), FractionDigits(m % 1000000);
      var sb, db, fb := (if b then "-" else ""), Decimal(n / 1000000), FractionDigits(n % 1000000);
      assert t == (sa + da + ".") + fa;
      assert t == (sb + db + ".") + fb;
      assert fa == t[|t| - 6..] == fb;
      assert sa + da == t[..|t| - 7] == sb + db;
      assert a <==> t[0] == '-' by {
        assert a ==> t[0] == sa[0];
        assert !a ==> t[0] == da[0];
      }
      assert b <==> t[0] == '-' by {
        assert b ==> t[0] == sb[0];
        assert !b ==> t[0] == db[0];
      }
      assert da == (sa + da)[|sa|..];
      assert db == (sb + db)[|sb|..];
      DecimalRoundTrip(m / 1000000);
      DecimalRoundTrip(n / 1000000);
    }
  }

  /** Two values print alike under "%f" exactly when they round alike. */
  lemma FormatF6Injective(x: real, y: real)
    ensures FormatF6(x) == FormatF6(y) <==> ((x < 0.0) == (y < 0.0) && RoundedMicros(x) == RoundedMicros(y))
  {
    FixedTextInjective(x < 0.0, RoundedMicros(x), y < 0.0, RoundedMicros(y));
  }

  /** A rounded magnitude below a power of ten, stated on the unrounded value (10^k - 1 is odd). */
  lemma {:induction false} RoundedBelow(x: real, k: nat)
    requires 1 <= k
    ensures RoundedMicros(x) < Pow10(k) <==> Abs(x) * 1000000.0 < Pow10(k) as real - 0.5
  {
    var m := Abs(x) * 1000000.0;
    var p := Pow10(k);
    OddBelowPow10(k);
    if m == p as real - 0.5 {
      var r := RoundHalfEven(m);
      assert r == p - 1 || r == p;
    }
  }

  lemma {:induction false} OddBelowPow10(k: nat)
    requires k >= 1
    ensures (Pow10(k) - 1) % 2 == 1
  {
    if k > 1 {
      OddBelowPow10(k - 1);
    }
  }

  /**
   * sprintf(n, "%f", x) into `char n[10]` writes the text and a terminating
   * NUL, so it stays inside the buffer only when the text has at most nine
   * characters.
   */
  predicate FitsTenCharBuffer(x: real)
  {
    |FormatF6(x)| + 1 <= 10
  }

  /** The nine-character bound holds exactly for -9.9999995 < x < 99.9999995. */
  lemma FitsTenCharBufferRange(x: real)
    ensures FitsTenCharBuffer(x) <==> -9.9999995 < x < 99.9999995
  {
    var n := RoundedMicros(x);
    FixedTextLength(x < 0.0, n);
    if x < 0.0 {
      DecimalLength(n / 1000000, 1);
      RoundedBelow(x, 7);
      assert Pow10(7) == 10000000;
    } else {
      DecimalLength(n / 1000000, 2);
      RoundedBelow(x, 8);
      assert Pow10(8) == 100000000;
    }
  }
}
